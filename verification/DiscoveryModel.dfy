/** All discovery supervisors of one client, sharing the membership index, over whole runs. */
module DiscoveryModel {
  import opened Prelude
  import opened Service
  import opened Memberships
  import opened DirectoryModel
  import opened SupervisorModel

  datatype System = System(tasks: map<Selector, Task>, index: Index, shutdown: bool, clock: nat)

  datatype Action =
    | Acquire(selector: Selector)
    | TaskStep(selector: Selector, event: Event)
    | BeginShutdown
    | FinishShutdown(selector: Selector)

  datatype Timed = Timed(action: Action, at: nat)

  function Endpoints(instances: seq<Instance>): seq<Text> {
    seq(|instances|, i requires 0 <= i < |instances| => instances[i].endpoint)
  }

  predicate Possible(s: System, a: Timed) {
    && s.clock <= a.at
    && match a.action
       case Acquire(selector) => !s.shutdown && selector !in s.tasks
       case TaskStep(selector, e) => selector in s.tasks && Enabled(s.tasks[selector], s.shutdown, e, a.at)
       case BeginShutdown => true
       case FinishShutdown(selector) => s.shutdown && selector in s.tasks
  }

  /** A snapshot update replaces the owner's members; the end of the loop removes them unless a shutdown will. */
  function Reindex(index: Index, selector: Selector, e: Event, shutdown: bool): Index {
    if Announced(e).Some? then Replace(index, selector, MembersOf(selector, Endpoints(Announced(e).value)))
    else if e.LoopEnded? && !shutdown then Remove(index, selector)
    else index
  }

  function Step(s: System, a: Timed, maxStaleness: nat): System
    requires Possible(s, a)
  {
    match a.action
    case Acquire(selector) => s.(tasks := s.tasks[selector := Start(a.at)], clock := a.at)
    case TaskStep(selector, e) =>
      System(s.tasks[selector := Next(s.tasks[selector], s.shutdown, e, a.at, maxStaleness)],
             Reindex(s.index, selector, e, s.shutdown), s.shutdown, a.at)
    case BeginShutdown => s.(shutdown := true, clock := a.at)
    case FinishShutdown(selector) =>
      System(s.tasks[selector := ReleaseRetained(s.tasks[selector], a.at)], Remove(s.index, selector), true, a.at)
  }

  predicate StepsAt(states: seq<System>, actions: seq<Timed>, maxStaleness: nat, i: nat)
    requires |states| == |actions| + 1 && i < |actions|
  {
    Possible(states[i], actions[i]) && states[i + 1] == Step(states[i], actions[i], maxStaleness)
  }

  /** A run as the states it goes through; short enough for the revision counters not to overflow. */
  ghost predicate IsRun(states: seq<System>, actions: seq<Timed>, maxStaleness: nat) {
    && |states| == |actions| + 1 && |actions| <= U64_MAX
    && states[0].tasks == map[] && states[0].index == Index(map[], map[]) && !states[0].shutdown
    && forall i :: 0 <= i < |actions| ==> StepsAt(states, actions, maxStaleness, i)
  }

  // ---------------------------------------------------------------------------------------------
  // Invariants

  ghost predicate TasksInv(s: System, steps: nat) {
    forall o :: o in s.tasks ==> TaskInv(s.tasks[o], s.shutdown) && s.tasks[o].forward.cell.revision <= steps
  }

  function Retained(t: Task, selector: Selector): set<Member> {
    if t.place.Done? then {} else MembersOf(selector, Endpoints(t.forward.cell.instances))
  }

  /** Until shutdown each owner holds the endpoints its directory retains, and nobody else holds anything. */
  ghost predicate IndexAgrees(s: System) {
    && Coherent(s.index)
    && (!s.shutdown ==> forall o :: Held(s.index, o) == if o in s.tasks then Retained(s.tasks[o], o) else {})
  }

  lemma ShutdownKeepsTask(t: Task)
    requires TaskInv(t, false)
    ensures TaskInv(t, true)
  {
  }

  lemma StepKeepsTasks(s: System, a: Timed, maxStaleness: nat, steps: nat)
    requires Possible(s, a) && TasksInv(s, steps) && steps < U64_MAX
    ensures TasksInv(Step(s, a, maxStaleness), steps + 1)
  {
    match a.action
    case TaskStep(selector, e) =>
      NextKeepsInv(s.tasks[selector], s.shutdown, e, a.at, maxStaleness);
      NextKeepsForward(s.tasks[selector], s.shutdown, e, a.at, maxStaleness);
    case BeginShutdown =>
      if !s.shutdown {
        forall o | o in s.tasks ensures TaskInv(s.tasks[o], true) { ShutdownKeepsTask(s.tasks[o]); }
      }
    case _ =>
  }

  /** Only snapshot updates change the retained instances, and they retain exactly what they announce. */
  lemma RetainedFollowsAnnouncements(t: Task, shutdown: bool, e: Event, now: nat, maxStaleness: nat)
    requires Enabled(t, shutdown, e, now) && t.forward.cell.revision < U64_MAX
    ensures Next(t, shutdown, e, now, maxStaleness).forward.cell.instances
            == if Announced(e).Some? then Announced(e).value else t.forward.cell.instances
    ensures Next(t, shutdown, e, now, maxStaleness).place.Done? <==> e.LoopEnded?
  {
  }

  lemma ReindexIsOneOwnersAffair(index: Index, o: Selector, e: Event, shutdown: bool)
    requires Coherent(index)
    ensures Coherent(Reindex(index, o, e, shutdown))
    ensures forall p :: p != o ==> Held(Reindex(index, o, e, shutdown), p) == Held(index, p)
    ensures Held(Reindex(index, o, e, shutdown), o)
            == if Announced(e).Some? then MembersOf(o, Endpoints(Announced(e).value))
               else if e.LoopEnded? && !shutdown then {} else Held(index, o)
  {
    if Announced(e).Some? {
      ReplaceKeepsCoherent(index, o, MembersOf(o, Endpoints(Announced(e).value)));
    } else {
      RemoveKeepsCoherent(index, o);
    }
  }

  lemma StepKeepsIndex(s: System, a: Timed, maxStaleness: nat, steps: nat)
    requires Possible(s, a) && TasksInv(s, steps) && steps < U64_MAX && IndexAgrees(s)
    ensures IndexAgrees(Step(s, a, maxStaleness))
  {
    match a.action
    case TaskStep(o, e) =>
      RetainedFollowsAnnouncements(s.tasks[o], s.shutdown, e, a.at, maxStaleness);
      ReindexIsOneOwnersAffair(s.index, o, e, s.shutdown);
    case FinishShutdown(o) => RemoveKeepsCoherent(s.index, o);
    case Acquire(o) =>
      assert MembersOf(o, Endpoints([])) == {};
    case BeginShutdown =>
  }

  lemma {:induction false} RunKeepsInv(states: seq<System>, actions: seq<Timed>, maxStaleness: nat, i: nat)
    requires IsRun(states, actions, maxStaleness) && i < |states|
    ensures TasksInv(states[i], i) && IndexAgrees(states[i])
  {
    if i > 0 {
      assert StepsAt(states, actions, maxStaleness, i - 1);
      RunKeepsInv(states, actions, maxStaleness, i - 1);
      StepKeepsTasks(states[i - 1], actions[i - 1], maxStaleness, i - 1);
      StepKeepsIndex(states[i - 1], actions[i - 1], maxStaleness, i - 1);
    }
  }

  // ---------------------------------------------------------------------------------------------
  // Cross-component agreement

  lemma RetainedIff(t: Task, o: Selector, m: Member)
    ensures m in Retained(t, o)
            <==> !t.place.Done? && exists n :: n in t.forward.cell.instances && m == Member(Identity(o), n.endpoint)
  {
    var instances := t.forward.cell.instances;
    var endpoints := Endpoints(instances);
    if m in Retained(t, o) {
      var e :| e in endpoints && m == Member(Identity(o), e);
      var i :| 0 <= i < |endpoints| && endpoints[i] == e;
      assert instances[i] in instances && m == Member(Identity(o), instances[i].endpoint);
    }
    if n :| n in instances && m == Member(Identity(o), n.endpoint) {
      var i :| 0 <= i < |instances| && instances[i] == n;
      assert endpoints[i] == n.endpoint;
    }
  }

  /**
   * Before shutdown a member is referenced exactly when some live directory retains an instance at its endpoint and
   * has its identity, the one that lookups use; and each owner holds what its own directory retains, whichever other
   * selectors share the identity.
   */
  lemma ReferencedIffRetained(states: seq<System>, actions: seq<Timed>, maxStaleness: nat, i: nat, m: Member)
    requires IsRun(states, actions, maxStaleness) && i < |states| && !states[i].shutdown
    ensures m in states[i].index.references
            <==> exists o, n :: && Live(states[i], o) && n in states[i].tasks[o].forward.cell.instances
                                && m == Member(Identity(o), n.endpoint)
    ensures forall o :: o in states[i].tasks ==>
              (m in Held(states[i].index, o)
               <==> && Live(states[i], o)
                    && exists n :: n in states[i].tasks[o].forward.cell.instances && m == Member(Identity(o), n.endpoint))
  {
    RunKeepsInv(states, actions, maxStaleness, i);
    var s := states[i];
    forall o | o in s.tasks ensures m in Held(s.index, o) <==> m in Retained(s.tasks[o], o) {}
    forall o | o in s.tasks { RetainedIff(s.tasks[o], o, m); }
    if m in s.index.references {
      var o :| o in Holders(s.index.owners, m);
      assert m in Held(s.index, o);
    }
    forall o | o in s.tasks && m in Retained(s.tasks[o], o) ensures m in s.index.references {
      HeldIsReferenced(s.index, o, m);
    }
  }

  // ---------------------------------------------------------------------------------------------
  // Staleness episodes

  predicate Live(s: System, o: Selector) {
    o in s.tasks && !s.tasks[o].place.Done?
  }

  function StateOf(s: System, o: Selector): DirectoryState
    requires o in s.tasks
  {
    s.tasks[o].forward.cell.state
  }

  /** The directory was ready at `loss`, and has been stale with one deadline ever since. */
  predicate StaleSince(states: seq<System>, actions: seq<Timed>, maxStaleness: nat, o: Selector, loss: nat, i: nat)
    requires |states| == |actions| + 1
  {
    && loss < i < |states|
    && Live(states[loss], o) && StateOf(states[loss], o).Ready?
    && forall k :: loss < k <= i ==>
         && Live(states[k], o) && StateOf(states[k], o).Stale?
         && states[k].tasks[o].forward.deadline == Some(actions[loss].at + maxStaleness)
  }

  /** One step before a stale directory: it was stale with the same deadline, or ready and just lost. */
  lemma BeforeStale(s: System, a: Timed, maxStaleness: nat, steps: nat, o: Selector)
    requires Possible(s, a) && TasksInv(s, steps) && steps < U64_MAX
    requires var t := Step(s, a, maxStaleness); Live(t, o) && StateOf(t, o).Stale?
    ensures Live(s, o)
    ensures var deadline := Step(s, a, maxStaleness).tasks[o].forward.deadline;
            || (StateOf(s, o).Ready? && deadline == Some(a.at + maxStaleness))
            || (StateOf(s, o).Stale? && deadline == s.tasks[o].forward.deadline)
  {
    if a.action.TaskStep? && a.action.selector == o {
      NextKeepsInv(s.tasks[o], s.shutdown, a.action.event, a.at, maxStaleness);
      DeadlineAppearsAtLoss(s.tasks[o], s.shutdown, a.action.event, a.at, maxStaleness);
    }
  }

  /** A loss extends over one more state that is stale with the same deadline. */
  lemma StillStale(states: seq<System>, actions: seq<Timed>, maxStaleness: nat, o: Selector, loss: nat, i: nat)
    requires |states| == |actions| + 1 && i + 1 < |states|
    requires StaleSince(states, actions, maxStaleness, o, loss, i)
    requires Live(states[i + 1], o) && StateOf(states[i + 1], o).Stale?
    requires states[i + 1].tasks[o].forward.deadline == states[i].tasks[o].forward.deadline
    ensures StaleSince(states, actions, maxStaleness, o, loss, i + 1)
  {
  }

  /**
   * Whenever a directory is stale, its deadline is the first loss since it was last ready plus the staleness bound:
   * no stale update, disconnect, failed activation or retry since then has moved it.
   */
  lemma {:induction false} DeadlineCountsFromFirstLoss(
      states: seq<System>, actions: seq<Timed>, maxStaleness: nat, o: Selector, i: nat) returns (loss: nat)
    requires IsRun(states, actions, maxStaleness) && i < |states|
    requires Live(states[i], o) && StateOf(states[i], o).Stale?
    ensures StaleSince(states, actions, maxStaleness, o, loss, i)
  {
    assert i > 0;
    assert StepsAt(states, actions, maxStaleness, i - 1);
    var before := states[i - 1];
    RunKeepsInv(states, actions, maxStaleness, i - 1);
    BeforeStale(before, actions[i - 1], maxStaleness, i - 1, o);
    if StateOf(before, o).Ready? {
      return i - 1;
    }
    loss := DeadlineCountsFromFirstLoss(states, actions, maxStaleness, o, i - 1);
    StillStale(states, actions, maxStaleness, o, loss, i - 1);
  }

  predicate Routable(state: DirectoryState) {
    state.Ready? || state.Stale?
  }

  /** The step hands the task a fresh ready snapshot. */
  predicate BringsReady(a: Timed, o: Selector) {
    && a.action.TaskStep? && a.action.selector == o
    && (a.action.event.ActivationOk? || a.action.event.Changed?) && a.action.event.raw.state.Ready?
  }

  lemma RoutableAgainOnlyByReady(t: Task, shutdown: bool, e: Event, now: nat, maxStaleness: nat)
    requires Enabled(t, shutdown, e, now) && t.forward.cell.revision < U64_MAX
    requires !Routable(t.forward.cell.state) && Routable(Next(t, shutdown, e, now, maxStaleness).forward.cell.state)
    ensures (e.ActivationOk? || e.Changed?) && e.raw.state.Ready?
    ensures Next(t, shutdown, e, now, maxStaleness).forward.cell.state.Ready?
  {
  }

  /** An unroutable directory that is routable later was handed a fresh ready snapshot in between. */
  lemma {:induction false} OnlyReadyRestoresRouting(
      states: seq<System>, actions: seq<Timed>, maxStaleness: nat, o: Selector, i: nat, j: nat) returns (k: nat)
    requires IsRun(states, actions, maxStaleness) && i <= j < |states|
    requires o in states[i].tasks && o in states[j].tasks
    requires !Routable(StateOf(states[i], o)) && Routable(StateOf(states[j], o))
    ensures i <= k < j && BringsReady(actions[k], o)
    decreases j
  {
    k := j - 1;
    var s, a := states[k], actions[k];
    assert StepsAt(states, actions, maxStaleness, k);
    TasksStay(states, actions, maxStaleness, o, i, k);
    RunKeepsInv(states, actions, maxStaleness, k);
    if Routable(StateOf(s, o)) {
      k := OnlyReadyRestoresRouting(states, actions, maxStaleness, o, i, k);
    } else {
      RoutableAgainOnlyByReady(s.tasks[o], s.shutdown, a.action.event, a.at, maxStaleness);
    }
  }

  lemma {:induction false} TasksStay(
      states: seq<System>, actions: seq<Timed>, maxStaleness: nat, o: Selector, i: nat, j: nat)
    requires IsRun(states, actions, maxStaleness) && i <= j < |states| && o in states[i].tasks
    ensures o in states[j].tasks
    decreases j
  {
    if i < j {
      assert StepsAt(states, actions, maxStaleness, j - 1);
      TasksStay(states, actions, maxStaleness, o, i, j - 1);
    }
  }

  // ---------------------------------------------------------------------------------------------
  // Generations and retries

  /** A handle is prepared only after every earlier one was closed for good, and so is completion signalled. */
  lemma GenerationsNeverOverlap(states: seq<System>, actions: seq<Timed>, maxStaleness: nat, o: Selector, i: nat)
    requires IsRun(states, actions, maxStaleness) && i < |states| && o in states[i].tasks
    ensures Alternates(states[i].tasks[o].log)
    ensures states[i].tasks[o].place.Top? || states[i].tasks[o].place.Done? ==> |states[i].tasks[o].log| % 2 == 0
  {
    RunKeepsInv(states, actions, maxStaleness, i);
  }

  /** What a caller waiting on the slot may route to, and what a retry finds. */
  lemma SlotsAndRetries(states: seq<System>, actions: seq<Timed>, maxStaleness: nat, o: Selector, i: nat)
    requires IsRun(states, actions, maxStaleness) && i < |states| && o in states[i].tasks
    ensures SlotAgrees(states[i].tasks[o].forward)
    ensures i < |actions| && actions[i].action == TaskStep(o, DelayElapsed) ==>
              NotRoutableFresh(StateOf(states[i], o))
              && o in states[i + 1].tasks && states[i + 1].tasks[o].forward.slot
                 == (if StateOf(states[i], o).Stale? then SlotStale else SlotUnavailable)
  {
    RunKeepsInv(states, actions, maxStaleness, i);
    if i < |actions| { assert StepsAt(states, actions, maxStaleness, i); }
  }
}
