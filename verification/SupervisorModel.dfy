/** The discovery supervisor: how one subscription task moves its directory, slot state and stale deadline. */
module SupervisorModel {
  import opened Prelude
  import opened Service
  import opened DirectoryModel

  datatype SlotState =
    | SlotInitializing
    | SlotReady
    | SlotStale
    | SlotUnavailable
    | SlotFailed(error: Text)
    | SlotQuarantined
    | SlotClosed

  /** What the forwarding helpers write: the published directory, the slot and the task's stale deadline. */
  datatype Forward = Forward(cell: Snapshot, slot: SlotState, deadline: Option<nat>)

  /** A publication whose refusal is ignored. */
  function Published(cell: Snapshot, state: DirectoryState, instances: Option<seq<Instance>>, now: nat): Snapshot {
    var published := Publish(cell, state, instances, now);
    if published.Ok? then published.value else cell
  }

  function KeepDeadline(deadline: Option<nat>, fallback: nat): Option<nat> {
    if deadline.None? then Some(fallback) else deadline
  }

  /** Without an initial or ready directory there is nothing stale to keep routing to. */
  function UpdateSnapshot(f: Forward, raw: Snapshot, now: nat, maxStaleness: nat): Forward {
    match raw.state
    case Ready => Forward(Published(f.cell, Ready, Some(raw.instances), now), SlotReady, None)
    case Stale =>
      if f.cell.state.Ready? || f.cell.state.Stale? then
        Forward(Published(f.cell, Stale, Some(raw.instances), now), SlotStale, KeepDeadline(f.deadline, now + maxStaleness))
      else
        Forward(Published(f.cell, Unavailable, Some(raw.instances), now), SlotUnavailable, None)
    case Unavailable => Forward(Published(f.cell, Unavailable, Some(raw.instances), now), SlotUnavailable, None)
    case Closed => MarkDisconnected(f, now, maxStaleness)
    case Initializing => f
  }

  function MarkDisconnected(f: Forward, now: nat, maxStaleness: nat): Forward {
    match f.cell.state
    case Ready =>
      Forward(Published(f.cell, Stale, None, now), SlotStale, KeepDeadline(f.deadline, now + maxStaleness))
    case Stale => f.(slot := SlotStale, deadline := KeepDeadline(f.deadline, now + maxStaleness))
    case Initializing => f.(cell := Published(f.cell, Unavailable, None, now), slot := SlotUnavailable)
    case _ => f
  }

  function ExpireStale(f: Forward, now: nat): Forward {
    if !f.cell.state.Stale? then f.(deadline := None)
    else Forward(Published(f.cell, Unavailable, None, now),
                 if f.slot.SlotReady? || f.slot.SlotStale? then SlotUnavailable else f.slot, None)
  }

  function SetProviderFailure(f: Forward, error: Text, now: nat): Forward {
    if f.cell.state.Stale? then f.(slot := SlotStale)
    else if f.cell.state.Initializing? then f.(cell := Published(f.cell, Unavailable, None, now), slot := SlotFailed(error))
    else f.(slot := SlotFailed(error))
  }

  function SetRetryingState(f: Forward): Forward {
    f.(slot := match f.cell.state
       case Initializing => SlotInitializing
       case Ready => SlotReady
       case Stale => SlotStale
       case Unavailable => SlotUnavailable
       case Closed => SlotClosed)
  }

  // ---------------------------------------------------------------------------------------------
  // The task

  /** Where a closed generation leads: the end, a retry, or a retry unless shut down meanwhile. */
  datatype After = Stop | Retry | RetryUnlessShutdown

  /** The await points of the task, and the end of its loop. */
  datatype Place = Top | Activating | Streaming | Closing(after: After) | Delaying | Finishing(terminal: SlotState) | Done

  datatype Generation = Prepared(id: nat) | ClosedForGood(id: nat)

  /** `retained` is the publisher handle kept by the slot; the task holds another until it is done. */
  datatype Task = Task(forward: Forward, place: Place, retained: bool, log: seq<Generation>)

  datatype Event =
    | ShutdownSeen
    | PrepareOk
    | PrepareFailed(error: Text)
    | PreparePanicked
    | ActivationOk(raw: Snapshot)
    | ActivationFailed(error: Text)
    | ActivationTimedOut
    | Changed(raw: Snapshot)
    | ChangeFailed
    | DeadlineReached
    | CloseTimedOut
    | CloseOk
    | CloseFailed(error: Text)
    | DelayElapsed
    | LoopEnded

  function Start(now: nat): Task {
    Task(Forward(Initial(now), SlotInitializing, None), Top, true, [])
  }

  predicate Awaiting(place: Place) {
    place.Activating? || place.Streaming? || place.Closing? || place.Delaying?
  }

  predicate Enabled(t: Task, shutdown: bool, e: Event, now: nat) {
    match e
    case ShutdownSeen => shutdown && (t.place.Top? || t.place.Activating? || t.place.Streaming? || t.place.Delaying?)
    case PrepareOk => t.place.Top?
    case PrepareFailed(_) => t.place.Top?
    case PreparePanicked => t.place.Top?
    case ActivationOk(_) => t.place.Activating?
    case ActivationFailed(_) => t.place.Activating?
    case ActivationTimedOut => t.place.Activating?
    case Changed(_) => t.place.Streaming?
    case ChangeFailed => t.place.Streaming?
    case DeadlineReached => Awaiting(t.place) && t.forward.deadline.Some? && t.forward.deadline.value <= now
    case CloseTimedOut => t.place.Closing?
    case CloseOk => t.place.Closing?
    case CloseFailed(_) => t.place.Closing?
    case DelayElapsed => t.place.Delaying?
    case LoopEnded => t.place.Finishing?
  }

  function Next(t: Task, shutdown: bool, e: Event, now: nat, maxStaleness: nat): Task
    requires Enabled(t, shutdown, e, now)
  {
    match e
    case ShutdownSeen =>
      t.(place := if t.place.Activating? then Closing(Stop)
                  else if t.place.Streaming? then Closing(RetryUnlessShutdown) else Finishing(SlotClosed))
    case PrepareOk => t.(place := Activating, log := t.log + [Prepared(|t.log| / 2)])
    case PrepareFailed(error) => t.(forward := SetProviderFailure(t.forward, error, now), place := Delaying)
    case PreparePanicked => t.(forward := t.forward.(slot := SlotQuarantined), place := Finishing(SlotQuarantined))
    case ActivationOk(raw) => t.(forward := UpdateSnapshot(t.forward, raw, now, maxStaleness), place := Streaming)
    case ActivationFailed(error) => t.(forward := SetProviderFailure(t.forward, error, now), place := Closing(Retry))
    case ActivationTimedOut =>
      t.(forward := MarkDisconnected(t.forward, now, maxStaleness).(slot := SlotQuarantined), place := Closing(Retry))
    case Changed(raw) => t.(forward := UpdateSnapshot(t.forward, raw, now, maxStaleness))
    case ChangeFailed =>
      t.(forward := MarkDisconnected(t.forward, now, maxStaleness), place := Closing(RetryUnlessShutdown))
    case DeadlineReached => t.(forward := ExpireStale(t.forward, now))
    case CloseTimedOut => t.(forward := t.forward.(slot := SlotQuarantined))
    case CloseOk =>
      t.(log := t.log + [ClosedForGood(|t.log| / 2)],
         place := if t.place.after.Stop? || (t.place.after.RetryUnlessShutdown? && shutdown)
                  then Finishing(SlotClosed) else Delaying)
    case CloseFailed(error) =>
      t.(log := t.log + [ClosedForGood(|t.log| / 2)],
         forward := t.forward.(slot := SlotFailed(error)), place := Finishing(SlotFailed(error)))
    case DelayElapsed => t.(forward := SetRetryingState(t.forward), place := Top)
    case LoopEnded =>
      var kept := t.retained && shutdown;
      var cell := if kept then t.forward.cell else Close(t.forward.cell, now);
      t.(forward := Forward(cell, t.place.terminal, None), place := Done, retained := kept)
  }

  /** The slot gives up its publisher handle; the directory closes if the task has already dropped its own. */
  function ReleaseRetained(t: Task, now: nat): Task {
    if t.retained && t.place.Done? then t.(retained := false, forward := t.forward.(cell := Close(t.forward.cell, now)))
    else t.(retained := false)
  }

  /** The instances a step hands to the membership index. */
  function Announced(e: Event): Option<seq<Instance>> {
    if (e.ActivationOk? || e.Changed?) && (e.raw.state.Ready? || e.raw.state.Stale? || e.raw.state.Unavailable?)
    then Some(e.raw.instances) else None
  }

  // ---------------------------------------------------------------------------------------------
  // What every step keeps

  /** A deadline runs exactly while the directory is stale. */
  predicate DeadlineIffStale(t: Task) {
    !t.place.Done? ==> (t.forward.deadline.Some? <==> t.forward.cell.state.Stale?)
  }

  /** A routable slot shows the directory's own state. */
  predicate SlotAgrees(f: Forward) {
    && (f.slot.SlotReady? ==> f.cell.state.Ready?)
    && (f.slot.SlotStale? ==> f.cell.state.Stale?)
  }

  predicate NotRoutableFresh(state: DirectoryState) {
    state.Stale? || state.Unavailable?
  }

  /** Which directory states each place of the loop can see. */
  predicate PlaceAgrees(t: Task, shutdown: bool) {
    var state := t.forward.cell.state;
    match t.place
    case Top => NotRoutableFresh(state) || state.Initializing?
    case Activating => NotRoutableFresh(state) || state.Initializing?
    case Delaying => NotRoutableFresh(state)
    case Closing(after) =>
      && !state.Closed?
      && (after.Retry? ==> NotRoutableFresh(state))
      && (after.RetryUnlessShutdown? && !shutdown ==> NotRoutableFresh(state))
    case Finishing(terminal) => !state.Closed? && !terminal.SlotReady? && !terminal.SlotStale?
    case Done =>
      && (state.Closed? <==> !t.retained) && (t.retained ==> shutdown)
      && !t.forward.slot.SlotReady? && !t.forward.slot.SlotStale?
    case _ => !state.Closed?
  }

  predicate HandleOpen(place: Place) {
    place.Activating? || place.Streaming? || place.Closing?
  }

  /** The log is prepared 0, closed 0, prepared 1, closed 1, and so on. */
  predicate Alternates(log: seq<Generation>) {
    forall i :: 0 <= i < |log| ==> log[i] == if i % 2 == 0 then Prepared(i / 2) else ClosedForGood(i / 2)
  }

  /** Exactly one generation is open where the loop works with a handle, and none anywhere else. */
  predicate GenerationsExclusive(t: Task) {
    Alternates(t.log) && (|t.log| % 2 == 1 <==> HandleOpen(t.place))
  }

  predicate TaskInv(t: Task, shutdown: bool) {
    DeadlineIffStale(t) && SlotAgrees(t.forward) && PlaceAgrees(t, shutdown) && GenerationsExclusive(t)
  }

  lemma NextKeepsForward(t: Task, shutdown: bool, e: Event, now: nat, maxStaleness: nat)
    requires Enabled(t, shutdown, e, now) && TaskInv(t, shutdown) && t.forward.cell.revision < U64_MAX
    ensures var u := Next(t, shutdown, e, now, maxStaleness);
            DeadlineIffStale(u) && SlotAgrees(u.forward) && PlaceAgrees(u, shutdown)
    ensures t.forward.cell.revision <= Next(t, shutdown, e, now, maxStaleness).forward.cell.revision
            <= t.forward.cell.revision + 1
  {
  }

  lemma NextKeepsGenerations(t: Task, shutdown: bool, e: Event, now: nat, maxStaleness: nat)
    requires Enabled(t, shutdown, e, now) && TaskInv(t, shutdown)
    ensures GenerationsExclusive(Next(t, shutdown, e, now, maxStaleness))
  {
  }

  lemma NextKeepsInv(t: Task, shutdown: bool, e: Event, now: nat, maxStaleness: nat)
    requires Enabled(t, shutdown, e, now) && TaskInv(t, shutdown) && t.forward.cell.revision < U64_MAX
    ensures TaskInv(Next(t, shutdown, e, now, maxStaleness), shutdown)
  {
    NextKeepsForward(t, shutdown, e, now, maxStaleness);
    NextKeepsGenerations(t, shutdown, e, now, maxStaleness);
  }

  /** Every await offers the expiry of a reached deadline, and expiry withdraws the stale snapshot from routing. */
  lemma ExpiryIsAlwaysOffered(t: Task, shutdown: bool, now: nat, maxStaleness: nat)
    requires TaskInv(t, shutdown) && Awaiting(t.place) && t.forward.cell.revision < U64_MAX
    requires t.forward.cell.state.Stale? && t.forward.deadline.value <= now
    ensures Enabled(t, shutdown, DeadlineReached, now)
    ensures var f := Next(t, shutdown, DeadlineReached, now, maxStaleness).forward;
            f.cell.state.Unavailable? && f.deadline.None? && !f.slot.SlotReady? && !f.slot.SlotStale?
            && f.cell.instances == t.forward.cell.instances
  {
  }

  /** A stale deadline appears only when a ready directory is lost, and is then counted from that moment. */
  lemma DeadlineAppearsAtLoss(t: Task, shutdown: bool, e: Event, now: nat, maxStaleness: nat)
    requires Enabled(t, shutdown, e, now) && TaskInv(t, shutdown) && t.forward.cell.revision < U64_MAX
    ensures var u := Next(t, shutdown, e, now, maxStaleness);
            u.forward.deadline.Some? ==>
              || (u.forward.deadline == t.forward.deadline && t.forward.cell.state.Stale?)
              || (t.forward.cell.state.Ready? && u.forward.deadline == Some(now + maxStaleness))
  {
  }
}
