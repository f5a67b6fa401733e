/** What each event does to a directory, its slot and its deadline, in every run; and what alone ends routing. */
module DiscoveryLaws {
  import opened Prelude
  import opened Service
  import opened Memberships
  import opened DirectoryModel
  import opened SupervisorModel
  import opened DiscoveryModel

  /** The provider hands over a snapshot in this state. */
  predicate Hands(e: Event, state: DirectoryState) {
    (e.ActivationOk? || e.Changed?) && e.raw.state == state
  }

  /** The provider's directory is gone, or was not there in time. */
  predicate Loses(e: Event) {
    e.ChangeFailed? || e.ActivationTimedOut? || Hands(e, Closed)
  }

  predicate Fails(e: Event) {
    e.PrepareFailed? || e.ActivationFailed?
  }

  /** A new snapshot is in the cell. */
  predicate Shows(t: Task, u: Task, state: DirectoryState, instances: seq<Instance>, now: nat) {
    u.forward.cell == Snapshot(t.forward.cell.revision + 1, now, state, instances)
  }

  predicate Keeps(t: Task, u: Task) {
    u.forward.cell == t.forward.cell && u.forward.deadline == t.forward.deadline
  }

  /** Ready and unavailable snapshots are forwarded as they are; a stale one only while there is something to serve. */
  predicate ForwardsHanded(t: Task, u: Task, e: Event, now: nat, maxStaleness: nat) {
    && (Hands(e, Ready) ==>
          Shows(t, u, Ready, e.raw.instances, now) && u.forward.slot == SlotReady && u.forward.deadline.None?)
    && (Hands(e, Unavailable) || (Hands(e, Stale) && !Routable(t.forward.cell.state)) ==>
          && Shows(t, u, Unavailable, e.raw.instances, now)
          && u.forward.slot == SlotUnavailable && u.forward.deadline.None?)
    && (Hands(e, Stale) && Routable(t.forward.cell.state) ==>
          Shows(t, u, Stale, e.raw.instances, now) && u.forward.slot == SlotStale
          && u.forward.deadline
             == if t.forward.cell.state.Ready? then Some(now + maxStaleness) else t.forward.deadline)
    && (Hands(e, Initializing) ==> u.forward == t.forward)
  }

  /** Losing the provider leaves its last instances, stale when they were ready and for a limited time. */
  predicate KeepsLost(t: Task, u: Task, e: Event, now: nat, maxStaleness: nat) {
    Loses(e) ==>
      match t.forward.cell.state
      case Ready =>
        Shows(t, u, Stale, t.forward.cell.instances, now) && u.forward.deadline == Some(now + maxStaleness)
        && u.forward.slot == if e.ActivationTimedOut? then SlotQuarantined else SlotStale
      case Initializing =>
        Shows(t, u, Unavailable, t.forward.cell.instances, now) && u.forward.deadline.None?
        && u.forward.slot == if e.ActivationTimedOut? then SlotQuarantined else SlotUnavailable
      case Stale => Keeps(t, u) && u.forward.slot == if e.ActivationTimedOut? then SlotQuarantined else SlotStale
      case _ => Keeps(t, u) && u.forward.slot == if e.ActivationTimedOut? then SlotQuarantined else t.forward.slot
  }

  /** A failed generation is reported in the slot, unless a stale directory is still being served. */
  predicate ReportsFailure(t: Task, u: Task, e: Event, now: nat) {
    Fails(e) ==>
      && u.forward.slot == (if t.forward.cell.state.Stale? then SlotStale else SlotFailed(e.error))
      && u.forward.deadline == t.forward.deadline
      && (if t.forward.cell.state.Initializing? then Shows(t, u, Unavailable, t.forward.cell.instances, now)
          else u.forward.cell == t.forward.cell)
  }

  predicate Expires(t: Task, u: Task, e: Event, now: nat) {
    e.DeadlineReached? ==>
      && Shows(t, u, Unavailable, t.forward.cell.instances, now) && u.forward.deadline.None?
      && u.forward.slot == if t.forward.slot.SlotStale? then SlotUnavailable else t.forward.slot
  }

  /** Nothing else publishes, until the end closes the directory or leaves that to the shutdown. */
  predicate EndsDirectory(t: Task, u: Task, e: Event, shutdown: bool, now: nat) {
    && (!e.ActivationOk? && !e.Changed? && !Loses(e) && !Fails(e) && !e.DeadlineReached? && !e.LoopEnded? ==>
          Keeps(t, u))
    && (e.PreparePanicked? || e.CloseTimedOut? ==> u.forward.slot == SlotQuarantined)
    && (e.CloseFailed? ==> u.forward.slot == SlotFailed(e.error))
    && (e.PrepareOk? || e.CloseOk? || e.ShutdownSeen? ==> u.forward.slot == t.forward.slot)
    && (e.LoopEnded? ==>
          if shutdown && t.retained then u.forward.cell == t.forward.cell
          else Shows(t, u, Closed, t.forward.cell.instances, now))
  }

  lemma EventsForward(t: Task, shutdown: bool, e: Event, now: nat, maxStaleness: nat)
    requires Enabled(t, shutdown, e, now) && TaskInv(t, shutdown) && t.forward.cell.revision < U64_MAX
    ensures var u := Next(t, shutdown, e, now, maxStaleness);
            ForwardsHanded(t, u, e, now, maxStaleness) && KeepsLost(t, u, e, now, maxStaleness)
  {
  }

  lemma EventsReport(t: Task, shutdown: bool, e: Event, now: nat, maxStaleness: nat)
    requires Enabled(t, shutdown, e, now) && TaskInv(t, shutdown) && t.forward.cell.revision < U64_MAX
    ensures var u := Next(t, shutdown, e, now, maxStaleness);
            && ReportsFailure(t, u, e, now) && Expires(t, u, e, now) && EndsDirectory(t, u, e, shutdown, now)
  {
  }

  /** In every run each step of a task has the effect its event calls for, and all other directories stay as they are. */
  lemma EveryEventIsForwarded(states: seq<System>, actions: seq<Timed>, maxStaleness: nat, i: nat, o: Selector)
    requires IsRun(states, actions, maxStaleness) && i < |actions| && actions[i].action.TaskStep?
    requires o in states[i].tasks
    ensures o in states[i + 1].tasks
    ensures var t, u, a := states[i].tasks[o], states[i + 1].tasks[o], actions[i];
            if o != a.action.selector then u == t
            else
              && ForwardsHanded(t, u, a.action.event, a.at, maxStaleness)
              && KeepsLost(t, u, a.action.event, a.at, maxStaleness)
              && ReportsFailure(t, u, a.action.event, a.at) && Expires(t, u, a.action.event, a.at)
              && EndsDirectory(t, u, a.action.event, states[i].shutdown, a.at)
  {
    assert StepsAt(states, actions, maxStaleness, i);
    RunKeepsInv(states, actions, maxStaleness, i);
    if o == actions[i].action.selector {
      EventsForward(states[i].tasks[o], states[i].shutdown, actions[i].action.event, actions[i].at, maxStaleness);
      EventsReport(states[i].tasks[o], states[i].shutdown, actions[i].action.event, actions[i].at, maxStaleness);
    }
  }

  /** Some instance among these is at the member's endpoint, under the identity of its selector. */
  ghost predicate Discovers(o: Selector, instances: seq<Instance>, m: Member) {
    exists n :: n in instances && m == Member(Identity(o), n.endpoint)
  }

  /**
   * What a task holds in the index is what it was handed last: any snapshot but an initializing or closed one replaces
   * it, the end of the loop gives it up unless a shutdown will, and nothing else touches it or what others hold.
   */
  lemma IndexFollowsEvents(
      states: seq<System>, actions: seq<Timed>, maxStaleness: nat, i: nat, o: Selector, m: Member)
    requires IsRun(states, actions, maxStaleness) && i < |actions| && actions[i].action.TaskStep?
    ensures var a, held := actions[i].action, m in Held(states[i].index, o);
            m in Held(states[i + 1].index, o)
            <==> if o != a.selector then held
                 else if Hands(a.event, Ready) || Hands(a.event, Stale) || Hands(a.event, Unavailable)
                 then Discovers(o, a.event.raw.instances, m)
                 else held && !(a.event.LoopEnded? && !states[i].shutdown)
  {
    assert StepsAt(states, actions, maxStaleness, i);
    RunKeepsInv(states, actions, maxStaleness, i);
    var a := actions[i].action;
    ReindexIsOneOwnersAffair(states[i].index, a.selector, a.event, states[i].shutdown);
    if Announced(a.event).Some? { DiscoversIff(o, a.event.raw.instances, m); }
  }

  lemma DiscoversIff(o: Selector, instances: seq<Instance>, m: Member)
    ensures m in MembersOf(o, Endpoints(instances)) <==> Discovers(o, instances, m)
  {
    var t := Task(Forward(Snapshot(0, 0, Initializing, instances), SlotInitializing, None), Top, true, []);
    RetainedIff(t, o, m);
  }

  /** The shutdown closes the directory of a task that has ended, and leaves every other one alone. */
  lemma ShutdownClosesDirectories(
      states: seq<System>, actions: seq<Timed>, maxStaleness: nat, i: nat, o: Selector, p: Selector)
    requires IsRun(states, actions, maxStaleness) && i < |actions| && actions[i].action == FinishShutdown(o)
    requires p in states[i].tasks
    ensures o in states[i].tasks && o in states[i + 1].tasks && p in states[i + 1].tasks
    ensures StateOf(states[i + 1], o).Closed? <==> !Live(states[i], o)
    ensures p != o ==> states[i + 1].tasks[p] == states[i].tasks[p]
    ensures states[i + 1].tasks[o].forward.cell.instances == states[i].tasks[o].forward.cell.instances
    ensures Held(states[i + 1].index, o) == {}
    ensures p != o ==> Held(states[i + 1].index, p) == Held(states[i].index, p)
  {
    assert StepsAt(states, actions, maxStaleness, i);
    RunKeepsInv(states, actions, maxStaleness, i);
  }

  // ---------------------------------------------------------------------------------------------
  // Routing

  /** What alone withdraws a routable directory: the provider's word, a reached deadline, or the end. */
  predicate EndsRouting(s: System, a: Timed, o: Selector) {
    || (a.action.TaskStep? && a.action.selector == o
        && (|| Hands(a.action.event, Unavailable)
            || (a.action.event.DeadlineReached? && o in s.tasks && StateOf(s, o).Stale?
                && s.tasks[o].forward.deadline.Some? && s.tasks[o].forward.deadline.value <= a.at)
            || a.action.event.LoopEnded?))
    || a.action == FinishShutdown(o)
  }

  /** The converse of the law that only a ready snapshot restores routing: routing is kept up through everything else. */
  lemma OnlyTheseEndRouting(states: seq<System>, actions: seq<Timed>, maxStaleness: nat, i: nat, o: Selector)
    requires IsRun(states, actions, maxStaleness) && i < |actions| && o in states[i].tasks
    requires Routable(StateOf(states[i], o))
    ensures o in states[i + 1].tasks
    ensures !Routable(StateOf(states[i + 1], o)) ==> EndsRouting(states[i], actions[i], o)
  {
    assert StepsAt(states, actions, maxStaleness, i);
    RunKeepsInv(states, actions, maxStaleness, i);
    if actions[i].action.TaskStep? { EveryEventIsForwarded(states, actions, maxStaleness, i, o); }
  }

  /** A directory stays routable, and is stale at worst, from a ready snapshot on until one of those. */
  lemma {:induction false} ReadyServesUntilEnded(
      states: seq<System>, actions: seq<Timed>, maxStaleness: nat, o: Selector, i: nat, j: nat)
    requires IsRun(states, actions, maxStaleness) && i < j < |states| && o in states[i].tasks
    requires BringsReady(actions[i], o)
    requires forall k :: i < k < j ==> !EndsRouting(states[k], actions[k], o)
    ensures o in states[j].tasks && Routable(StateOf(states[j], o))
    decreases j
  {
    if j == i + 1 {
      assert StepsAt(states, actions, maxStaleness, i);
      EveryEventIsForwarded(states, actions, maxStaleness, i, o);
    } else {
      ReadyServesUntilEnded(states, actions, maxStaleness, o, i, j - 1);
      OnlyTheseEndRouting(states, actions, maxStaleness, j - 1, o);
    }
  }

  // ---------------------------------------------------------------------------------------------
  // How a task ends

  /** The slot state that an event ending the loop leaves behind. */
  function TerminalOf(e: Event): SlotState {
    match e
    case CloseFailed(error) => SlotFailed(error)
    case PreparePanicked => SlotQuarantined
    case _ => SlotClosed
  }

  /** A finishing task was sent there by a failed close, a panicking provider, or a shutdown it saw or closed under. */
  lemma {:induction false} FinishingHasReason(
      states: seq<System>, actions: seq<Timed>, maxStaleness: nat, o: Selector, i: nat) returns (k: nat)
    requires IsRun(states, actions, maxStaleness) && i < |states| && o in states[i].tasks
    requires states[i].tasks[o].place.Finishing?
    ensures k < i && actions[k].action.TaskStep? && actions[k].action.selector == o
    ensures var e := actions[k].action.event;
            && (e.CloseFailed? || e.PreparePanicked? || ((e.ShutdownSeen? || e.CloseOk?) && states[k].shutdown))
            && states[i].tasks[o].place.terminal == TerminalOf(e)
    ensures forall j :: k < j < i ==> actions[j].action.TaskStep? ==> actions[j].action.selector != o
    decreases i
  {
    assert i > 0;
    assert StepsAt(states, actions, maxStaleness, i - 1);
    RunKeepsReasons(states, actions, maxStaleness, i - 1);
    k := i - 1;
    if o in states[k].tasks && states[k].tasks[o].place.Finishing? {
      k := FinishingHasReason(states, actions, maxStaleness, o, k);
    }
  }

  /** A task stops after a close only because of a shutdown. */
  ghost predicate StopsForShutdown(s: System) {
    forall o :: o in s.tasks && s.tasks[o].place.Closing? && s.tasks[o].place.after.Stop? ==> s.shutdown
  }

  lemma {:induction false} RunKeepsReasons(states: seq<System>, actions: seq<Timed>, maxStaleness: nat, i: nat)
    requires IsRun(states, actions, maxStaleness) && i < |states|
    ensures StopsForShutdown(states[i])
  {
    if i > 0 {
      assert StepsAt(states, actions, maxStaleness, i - 1);
      RunKeepsReasons(states, actions, maxStaleness, i - 1);
    }
  }

  /** Once its loop has ended a slot says why for good, and the directory is closed when both handles are gone. */
  lemma EndedSlotSaysWhy(states: seq<System>, actions: seq<Timed>, maxStaleness: nat, o: Selector, i: nat)
    returns (k: nat)
    requires IsRun(states, actions, maxStaleness) && i < |actions| && o in states[i].tasks
    requires actions[i].action == TaskStep(o, LoopEnded)
    ensures k < i && actions[k].action.TaskStep? && actions[k].action.selector == o
    ensures o in states[i + 1].tasks
    ensures var e, u := actions[k].action.event, states[i + 1].tasks[o];
            && u.forward.slot == TerminalOf(e) && u.place.Done?
            && (e.CloseFailed? || e.PreparePanicked? || ((e.ShutdownSeen? || e.CloseOk?) && states[k].shutdown))
  {
    assert StepsAt(states, actions, maxStaleness, i);
    k := FinishingHasReason(states, actions, maxStaleness, o, i);
  }
}
